/** The interop program decides one claim per pre-state, and its claims chain into whole superchain transitions. */
module InteropTheorems {
  import opened Prelude
  import opened Blocks
  import opened PreStates
  import Consolidation
  import opened ProofRun
  import opened Replacements
  import opened Interop

  // ---------------------------------------------------------------------------------------------
  // The program as a decider

  /** What an agreed pre-state leads to: the same state again, the invalid marker, or a further state. */
  datatype Post = Same | Invalid | Moved(state: PreState)

  function Move(next: Option<PreState>): Option<Post> {
    match next
    case None => None
    case Some(p) => Some(Moved(p))
  }

  ghost function StepPost(w: World, ctx: Context, p: PreState): Option<Post> {
    if Saturated(p) then Move(NextState(p, None))
    else
      match ActiveBlock(w, ctx, p)
      case Stuck(_) => None
      case Exhausted => Some(Invalid)
      case Block(b) => Move(NextState(p, Some(b)))
  }

  /** The state transition function of the superchain; the claim is not among its inputs. */
  ghost function NextPost(w: World, ctx: Context, agreed: Agreed): Option<Post>
  {
    match agreed
    case InvalidMarker => Some(Invalid)
    case Broken(_) => None
    case Decoded(Super(root)) =>
      if root.timestamp >= ctx.claimedTimestamp then Some(Same) else StepPost(w, ctx, Super(root))
    case Decoded(Transition(s)) =>
      if s.preState.timestamp >= ctx.claimedTimestamp || s.step > MAX_STEPS then None
      else if s.step < MAX_STEPS then StepPost(w, ctx, Transition(s))
      else
        match Resolve(w, ctx, s)
        case Err(_) => None
        case Ok(resolved) => Move(NextState(Transition(resolved), None))
  }

  function CommitmentOf(w: World, commitment: Hash, post: Post): Hash {
    match post
    case Same => commitment
    case Invalid => INVALID_TRANSITION_HASH
    case Moved(p) => w.hash(p)
  }

  /** The one post-state commitment a pre-state allows, if any. */
  ghost function Expected(w: World, ctx: Context, commitment: Hash, agreed: Agreed): Option<Hash>
  {
    match NextPost(w, ctx, agreed)
    case None => None
    case Some(post) => Some(CommitmentOf(w, commitment, post))
  }

  lemma SubTransitionDecides(w: World, ctx: Context, commitment: Hash, p: PreState, claim: Hash)
    ensures SubTransition(w, ctx, p, claim).Ok?
       <==> StepPost(w, ctx, p).Some? && claim == CommitmentOf(w, commitment, StepPost(w, ctx, p).value)
  {
    hide ActiveBlock, NextState;
  }

  /** The program accepts a claim exactly when it is the expected commitment, which does not depend on the claim. */
  lemma ProgramDecides(w: World, ctx: Context, commitment: Hash, agreed: Agreed, claim: Hash)
    ensures Program(w, ctx, commitment, agreed, claim).Ok? <==> Expected(w, ctx, commitment, agreed) == Some(claim)
  {
    if agreed.Decoded? {
      SubTransitionDecides(w, ctx, commitment, agreed.state, claim);
    }
    hide SubTransition, StepPost, NextState, Resolve;
  }

  /** What a wrong claim is reported with: the claim first against a further state, else the right commitment first. */
  lemma WrongClaim(w: World, ctx: Context, commitment: Hash, agreed: Agreed, claim: Hash)
    requires NextPost(w, ctx, agreed).Some? && Expected(w, ctx, commitment, agreed) != Some(claim)
    ensures var right := Expected(w, ctx, commitment, agreed).value;
            Program(w, ctx, commitment, agreed, claim)
            == Err(if NextPost(w, ctx, agreed).value.Moved? then InvalidClaim(claim, right)
                   else InvalidClaim(right, claim))
  {
    if agreed.Decoded? {
      WrongStep(w, ctx, commitment, agreed.state, claim);
    }
    hide SubTransition, StepPost, NextState, Resolve;
  }

  lemma WrongStep(w: World, ctx: Context, commitment: Hash, p: PreState, claim: Hash)
    ensures StepPost(w, ctx, p).Some? && claim != CommitmentOf(w, commitment, StepPost(w, ctx, p).value) ==>
              var post := StepPost(w, ctx, p).value;
              SubTransition(w, ctx, p, claim)
              == Err(if post.Moved? then InvalidClaim(claim, CommitmentOf(w, commitment, post))
                     else InvalidClaim(CommitmentOf(w, commitment, post), claim))
  {
    hide ActiveBlock, NextState;
  }

  /** A transition that is not due any more is refused with the agreed commitment, whatever is claimed. */
  lemma OverdueTransition(w: World, ctx: Context, commitment: Hash, s: TransitionState, claim: Hash)
    requires s.preState.timestamp >= ctx.claimedTimestamp
    ensures Program(w, ctx, commitment, Decoded(Transition(s)), claim) == Err(InvalidClaim(commitment, claim))
  {
    hide SubTransition, ConsolidateDependencies;
  }

  /** At most one claim is ever accepted for a pre-state. */
  lemma OneClaim(w: World, ctx: Context, commitment: Hash, agreed: Agreed, a: Hash, b: Hash)
    requires Program(w, ctx, commitment, agreed, a).Ok? && Program(w, ctx, commitment, agreed, b).Ok?
    ensures a == b
  {
    hide Program, Expected;
    ProgramDecides(w, ctx, commitment, agreed, a);
    ProgramDecides(w, ctx, commitment, agreed, b);
  }

  // ---------------------------------------------------------------------------------------------
  // Whole transitions

  /** The agreed pre-state of the next run. */
  ghost function Turn(w: World, ctx: Context, agreed: Agreed): Option<Agreed>
  {
    match NextPost(w, ctx, agreed)
    case None => None
    case Some(Same) => Some(agreed)
    case Some(Invalid) => Some(InvalidMarker)
    case Some(Moved(p)) => Some(Decoded(p))
  }

  ghost function Play(w: World, ctx: Context, agreed: Agreed, turns: nat): Option<Agreed>
    decreases turns
  {
    if turns == 0 then Some(agreed)
    else
      match Play(w, ctx, agreed, turns - 1)
      case None => None
      case Some(a) => Turn(w, ctx, a)
  }

  /** The next block of chain `i`, from that chain's output root alone. */
  ghost function BlockOf(w: World, ctx: Context, root: SuperRoot, i: nat): Derived
    requires i < |root.outputRoots|
  {
    NextBlock(w, ctx, root.outputRoots[i], root.timestamp)
  }

  /** The first `k` chains all have a next block. */
  ghost predicate Derivable(w: World, ctx: Context, root: SuperRoot, k: nat) {
    k <= |root.outputRoots| && forall i | 0 <= i < k :: BlockOf(w, ctx, root, i).Block?
  }

  ghost function DerivedBlocks(w: World, ctx: Context, root: SuperRoot, k: nat): (blocks: seq<OptimisticBlock>)
    requires Derivable(w, ctx, root, k)
    ensures |blocks| == k
  {
    seq(k, i requires 0 <= i < k && Derivable(w, ctx, root, k) => BlockOf(w, ctx, root, i).block)
  }

  function Least(a: nat, b: nat): nat {
    if a < b then a else b
  }

  /** The transition state after `k` steps: the blocks of the first `k` chains, or of all if there are fewer. */
  ghost function Progress(w: World, ctx: Context, root: SuperRoot, k: nat): TransitionState
    requires Derivable(w, ctx, root, Least(k, |root.outputRoots|))
  {
    TransitionState(root, DerivedBlocks(w, ctx, root, Least(k, |root.outputRoots|)), k)
  }

  lemma FirstTurn(w: World, ctx: Context, root: SuperRoot)
    requires root.timestamp < ctx.claimedTimestamp && |root.outputRoots| > 0
    ensures match BlockOf(w, ctx, root, 0)
            case Block(_) =>
              && Derivable(w, ctx, root, 1)
              && Turn(w, ctx, Decoded(Super(root))) == Some(Decoded(Transition(Progress(w, ctx, root, 1))))
            case Exhausted => Turn(w, ctx, Decoded(Super(root))) == Some(InvalidMarker)
            case Stuck(_) => Turn(w, ctx, Decoded(Super(root))) == None
  {
    hide NextBlock;
    if BlockOf(w, ctx, root, 0).Block? {
      assert DerivedBlocks(w, ctx, root, 1) == [BlockOf(w, ctx, root, 0).block];
    }
  }

  lemma FurtherTurn(w: World, ctx: Context, root: SuperRoot, k: nat)
    requires root.timestamp < ctx.claimedTimestamp && 1 <= k < MAX_STEPS && k < |root.outputRoots|
    requires Derivable(w, ctx, root, k)
    ensures var turn := Turn(w, ctx, Decoded(Transition(Progress(w, ctx, root, k))));
            match BlockOf(w, ctx, root, k)
            case Block(_) =>
              && Derivable(w, ctx, root, k + 1)
              && turn == Some(Decoded(Transition(Progress(w, ctx, root, k + 1))))
            case Exhausted => turn == Some(InvalidMarker)
            case Stuck(_) => turn == None
  {
    hide NextBlock;
    if BlockOf(w, ctx, root, k).Block? {
      assert Derivable(w, ctx, root, k + 1);
      assert DerivedBlocks(w, ctx, root, k + 1) == DerivedBlocks(w, ctx, root, k) + [BlockOf(w, ctx, root, k).block];
    }
  }

  lemma PaddingTurn(w: World, ctx: Context, root: SuperRoot, k: nat)
    requires root.timestamp < ctx.claimedTimestamp && 1 <= k < MAX_STEPS && |root.outputRoots| <= k
    requires Derivable(w, ctx, root, |root.outputRoots|)
    ensures Turn(w, ctx, Decoded(Transition(Progress(w, ctx, root, k))))
         == Some(Decoded(Transition(Progress(w, ctx, root, k + 1))))
  {
    hide NextBlock, BlockOf, Derivable, DerivedBlocks;
  }

  lemma DerivablePrefix(w: World, ctx: Context, root: SuperRoot, j: nat, k: nat)
    requires Derivable(w, ctx, root, k) && j <= k
    ensures Derivable(w, ctx, root, j)
  {
  }

  /**
   * Every step of the transition appends the next chain's block, and pads with no-ops once all chains are in. Only the
   * chains that have had their step need to have a block.
   */
  lemma {:induction false} PlayTransition(w: World, ctx: Context, root: SuperRoot, k: nat)
    requires root.timestamp < ctx.claimedTimestamp && |root.outputRoots| > 0 && 1 <= k <= MAX_STEPS
    requires Derivable(w, ctx, root, Least(k, |root.outputRoots|))
    ensures Play(w, ctx, Decoded(Super(root)), k) == Some(Decoded(Transition(Progress(w, ctx, root, k))))
    decreases k
  {
    hide Turn, Progress, BlockOf;
    var n := |root.outputRoots|;
    assert k <= n ==> BlockOf(w, ctx, root, k - 1).Block?;
    if k == 1 {
      assert Play(w, ctx, Decoded(Super(root)), 0) == Some(Decoded(Super(root)));
      FirstTurn(w, ctx, root);
    } else {
      DerivablePrefix(w, ctx, root, Least(k - 1, n), Least(k, n));
      hide Derivable;
      PlayTransition(w, ctx, root, k - 1);
      if k - 1 < n {
        FurtherTurn(w, ctx, root, k - 1);
      } else {
        PaddingTurn(w, ctx, root, k - 1);
      }
    }
  }

  /**
   * A transition stops at the first chain without a block: for good, with the invalid marker if its source is exhausted
   * and with nothing otherwise.
   */
  lemma PlayStops(w: World, ctx: Context, root: SuperRoot, j: nat, k: nat)
    requires root.timestamp < ctx.claimedTimestamp && j < Least(|root.outputRoots|, MAX_STEPS) && j < k
    requires Derivable(w, ctx, root, j) && !BlockOf(w, ctx, root, j).Block?
    ensures Play(w, ctx, Decoded(Super(root)), k)
         == if BlockOf(w, ctx, root, j).Exhausted? then Some(InvalidMarker) else None
  {
    hide Turn, Progress, Derivable, BlockOf;
    var start := Decoded(Super(root));
    if j == 0 {
      FirstTurn(w, ctx, root);
      assert Play(w, ctx, start, 0) == Some(start);
    } else {
      PlayTransition(w, ctx, root, j);
      FurtherTurn(w, ctx, root, j);
    }
    if Play(w, ctx, start, j + 1) == None {
      StuckForever(w, ctx, start, j + 1, k);
    } else {
      InvalidForever(w, ctx, start, j + 1, k);
    }
  }

  /** Consolidation neither adds nor drops a pending block, and leaves the rest of the state alone. */
  lemma ResolveKeepsShape(w: World, ctx: Context, s: TransitionState)
    requires Resolve(w, ctx, s).Ok?
    ensures var r := Resolve(w, ctx, s).value;
            r == s.(pendingProgress := r.pendingProgress) && |r.pendingProgress| == |s.pendingProgress|
  {
    var heads := LoadHeaders(w, ctx, Pairs(s), map[]).value;
    Consolidation.ConsolidateClean(w.tools(ctx.rollupConfigs), Consolidation.Work(s.pendingProgress, heads));
  }

  lemma LastTurn(w: World, ctx: Context, root: SuperRoot)
    requires root.timestamp < ctx.claimedTimestamp && Derivable(w, ctx, root, Least(MAX_STEPS, |root.outputRoots|))
    ensures var state := Progress(w, ctx, root, MAX_STEPS);
            var resolved, next := Resolve(w, ctx, state), Turn(w, ctx, Decoded(Transition(state)));
            if |root.outputRoots| <= MAX_STEPS && resolved.Ok? then
              var r := resolved.value;
              && |r.pendingProgress| == |root.outputRoots| && r.preState == root
              && next == Some(Decoded(Super(NewSuperRoot(root.timestamp + 1, Settled(r)))))
            else next == None
  {
    var state := Progress(w, ctx, root, MAX_STEPS);
    if Resolve(w, ctx, state).Ok? {
      ResolveKeepsShape(w, ctx, state);
    }
    hide Resolve, NewSuperRoot, Settled, Derivable, DerivedBlocks;
  }

  /** The first chain without a block, among those that get a step, has an exhausted source. */
  ghost predicate Exhausts(w: World, ctx: Context, root: SuperRoot, j: nat) {
    j < Least(|root.outputRoots|, 127) && Derivable(w, ctx, root, j) && BlockOf(w, ctx, root, j).Exhausted?
  }

  /** All chains have a block, there is a step for each of them, and their blocks can be consolidated. */
  ghost predicate Completes(w: World, ctx: Context, root: SuperRoot) {
    && 1 <= |root.outputRoots| <= 127
    && Derivable(w, ctx, root, |root.outputRoots|)
    && Resolve(w, ctx, Progress(w, ctx, root, MAX_STEPS)).Ok?
  }

  /**
   * What 128 runs make of any super root that is due: the super root of the next second exactly when it has between 1
   * and 127 chains, all of them can be derived, and they can be consolidated; the invalid marker exactly when the first
   * chain that cannot be derived has an exhausted source; and nothing else.
   */
  lemma CompletesIff(w: World, ctx: Context, root: SuperRoot)
    requires root.timestamp < ctx.claimedTimestamp
    ensures var end := Play(w, ctx, Decoded(Super(root)), 128);
            && (end == Some(InvalidMarker) <==> exists j: nat :: Exhausts(w, ctx, root, j))
            && (end.Some? && end != Some(InvalidMarker) <==> Completes(w, ctx, root))
            && (Completes(w, ctx, root) ==>
                  var r := Resolve(w, ctx, Progress(w, ctx, root, MAX_STEPS)).value;
                  && |r.pendingProgress| == |r.preState.outputRoots|
                  && end == Some(Decoded(Super(NewSuperRoot(root.timestamp + 1, Settled(r))))))
  {
    var n := Least(MAX_STEPS, |root.outputRoots|);
    hide Turn, BlockOf, Derivable, Progress, Resolve, NewSuperRoot, Settled;
    if |root.outputRoots| == 0 {
      EmptyRootStuck(w, ctx, root);
      assert Play(w, ctx, Decoded(Super(root)), 0) == Some(Decoded(Super(root)));
      StuckForever(w, ctx, Decoded(Super(root)), 1, MAX_STEPS + 1);
    } else if Derivable(w, ctx, root, n) {
      AllIn(w, ctx, root);
      hide Play;
      NoneExhausts(w, ctx, root);
    } else {
      var j := FirstMissing(w, ctx, root, n);
      PlayStops(w, ctx, root, j, MAX_STEPS + 1);
      hide Play;
      FirstDecides(w, ctx, root, j);
    }
  }

  /** The end of a transition in which every chain that gets a step has a block. */
  lemma AllIn(w: World, ctx: Context, root: SuperRoot)
    requires root.timestamp < ctx.claimedTimestamp && |root.outputRoots| > 0
    requires Derivable(w, ctx, root, Least(MAX_STEPS, |root.outputRoots|))
    ensures var end := Play(w, ctx, Decoded(Super(root)), MAX_STEPS + 1);
            if Completes(w, ctx, root) then
              var r := Resolve(w, ctx, Progress(w, ctx, root, MAX_STEPS)).value;
              && |r.pendingProgress| == |r.preState.outputRoots|
              && end == Some(Decoded(Super(NewSuperRoot(root.timestamp + 1, Settled(r)))))
            else end == None
  {
    hide Turn, BlockOf, Derivable, Progress, Resolve, NewSuperRoot, Settled;
    PlayTransition(w, ctx, root, MAX_STEPS);
    LastTurn(w, ctx, root);
  }

  lemma NoneExhausts(w: World, ctx: Context, root: SuperRoot)
    requires Derivable(w, ctx, root, Least(MAX_STEPS, |root.outputRoots|))
    ensures !exists j: nat :: Exhausts(w, ctx, root, j)
  {
    hide BlockOf;
  }

  lemma {:induction false} FirstMissing(w: World, ctx: Context, root: SuperRoot, k: nat) returns (j: nat)
    requires k <= |root.outputRoots| && !Derivable(w, ctx, root, k)
    ensures j < k && Derivable(w, ctx, root, j) && !BlockOf(w, ctx, root, j).Block?
    decreases k
  {
    hide BlockOf;
    if Derivable(w, ctx, root, k - 1) {
      j := k - 1;
    } else {
      j := FirstMissing(w, ctx, root, k - 1);
    }
  }

  /** The first chain without a block decides: no other can be the exhausted one, and nothing is completed. */
  lemma FirstDecides(w: World, ctx: Context, root: SuperRoot, j: nat)
    requires j < Least(|root.outputRoots|, MAX_STEPS)
    requires Derivable(w, ctx, root, j) && !BlockOf(w, ctx, root, j).Block?
    ensures (exists i: nat :: Exhausts(w, ctx, root, i)) <==> BlockOf(w, ctx, root, j).Exhausted?
    ensures !Completes(w, ctx, root)
  {
    hide BlockOf, Progress, Resolve;
    if BlockOf(w, ctx, root, j).Exhausted? {
      assert Exhausts(w, ctx, root, j);
    }
  }

  lemma EmptyRootStuck(w: World, ctx: Context, root: SuperRoot)
    requires root.outputRoots == [] && root.timestamp < ctx.claimedTimestamp
    ensures Turn(w, ctx, Decoded(Super(root))) == None
  {
  }

  lemma {:induction false} StuckForever(w: World, ctx: Context, agreed: Agreed, i: nat, k: nat)
    requires Play(w, ctx, agreed, i) == None && i <= k
    ensures Play(w, ctx, agreed, k) == None
    decreases k
  {
    hide Turn;
    if i < k {
      StuckForever(w, ctx, agreed, i, k - 1);
    }
  }

  /** The completed super root lists the same chains in the same order, one second later. */
  lemma CompletedChains(root: SuperRoot, r: TransitionState)
    requires Ordered(root.outputRoots) && r.preState == root && |r.pendingProgress| == |root.outputRoots|
    ensures var next := NewSuperRoot(root.timestamp + 1, Settled(r));
            && next.timestamp == root.timestamp + 1
            && |next.outputRoots| == |root.outputRoots|
            && forall i | 0 <= i < |root.outputRoots| ::
                 next.outputRoots[i] == OutputRoot(root.outputRoots[i].chainId, r.pendingProgress[i].outputRoot)
  {
    SortOrdered(Settled(r));
  }

  /** Once the invalid marker is reached, the only claim accepted, then and ever after, is the invalid marker. */
  lemma {:induction false} InvalidForever(w: World, ctx: Context, agreed: Agreed, i: nat, k: nat)
    requires Play(w, ctx, agreed, i) == Some(InvalidMarker) && i <= k
    ensures Play(w, ctx, agreed, k) == Some(InvalidMarker)
    ensures forall claim, commitment ::
              Program(w, ctx, commitment, InvalidMarker, claim).Ok?
              <==> claim == 0xffd7db0f9d5cdeb49c4c9eba649d4dc6d852d64671e65488e57f58584992ac68
    decreases k
  {
    if i < k {
      InvalidForever(w, ctx, agreed, i, k - 1);
    }
  }

  // ---------------------------------------------------------------------------------------------
  // Loading the local safe heads

  predicate DistinctChains(pairs: seq<(OutputRoot, Hash)>) {
    forall i, j | 0 <= i < j < |pairs| :: pairs[i].0.chainId != pairs[j].0.chainId
  }

  /** With distinct chains, loading succeeds exactly when each header loads, and files each under its own chain. */
  lemma {:induction false} LoadHeadersExact(
    w: World, ctx: Context, pairs: seq<(OutputRoot, Hash)>, loaded: Consolidation.Heads)
    requires DistinctChains(pairs)
    requires forall i | 0 <= i < |pairs| :: pairs[i].0.chainId !in loaded
    ensures var r := LoadHeaders(w, ctx, pairs, loaded);
            && (r.Ok? <==> forall i | 0 <= i < |pairs| :: LoadHeader(w, ctx, pairs[i]).Ok?)
            && (r.Ok? ==>
                  && (forall i | 0 <= i < |pairs| ::
                        && pairs[i].0.chainId in r.value
                        && r.value[pairs[i].0.chainId] == LoadHeader(w, ctx, pairs[i]).value)
                  && (forall c | c in loaded :: c in r.value && r.value[c] == loaded[c])
                  && (forall c | c in r.value ::
                        c in loaded || exists i :: 0 <= i < |pairs| && pairs[i].0.chainId == c))
    decreases |pairs|
  {
    hide LoadHeader;
    if pairs != [] && LoadHeader(w, ctx, pairs[0]).Ok? {
      var chain := pairs[0].0.chainId;
      var more := loaded[chain := LoadHeader(w, ctx, pairs[0]).value];
      var rest := pairs[1..];
      assert forall i | 0 <= i < |rest| :: rest[i] == pairs[i + 1];
      LoadHeadersExact(w, ctx, rest, more);
      var r := LoadHeaders(w, ctx, rest, more);
      if r.Ok? {
        assert r.value[chain] == more[chain];
        forall i | 0 <= i < |pairs|
          ensures LoadHeader(w, ctx, pairs[i]).Ok?
          ensures pairs[i].0.chainId in r.value && r.value[pairs[i].0.chainId] == LoadHeader(w, ctx, pairs[i]).value
        {
          assert i > 0 ==> pairs[i] == rest[i - 1];
        }
        forall c | c in r.value && c !in loaded
          ensures exists i :: 0 <= i < |pairs| && pairs[i].0.chainId == c
        {
          if c != chain {
            var i :| 0 <= i < |rest| && rest[i].0.chainId == c;
            assert pairs[i + 1].0.chainId == c;
          } else {
            assert pairs[0].0.chainId == c;
          }
        }
      }
    }
  }

  /**
   * A header loads exactly when the chain's agreed root has a block, the chain is configured, in the registry or by the
   * boot inputs, and its header is stored under the pending hash, with which it is then sealed.
   */
  lemma LoadHeaderIff(w: World, ctx: Context, agreed: OutputRoot, hash: Hash, head: Sealed)
    ensures LoadHeader(w, ctx, (agreed, hash)) == Ok(head)
       <==> (&& w.outputBlockHash(agreed.root, agreed.chainId).Ok?
             && (agreed.chainId in w.registry || agreed.chainId in ctx.rollupConfigs)
             && head.hash == hash && w.headerByHash(agreed.chainId, hash) == Ok(head.inner))
    ensures LoadHeader(w, ctx, (agreed, hash)) == Err(MissingRollupConfig(agreed.chainId))
       <==> (&& w.outputBlockHash(agreed.root, agreed.chainId).Ok?
             && agreed.chainId !in w.registry && agreed.chainId !in ctx.rollupConfigs)
  {
  }

  function ChainsOf(s: TransitionState): seq<u64> {
    seq(|s.preState.outputRoots|, i requires 0 <= i < |s.preState.outputRoots| => s.preState.outputRoots[i].chainId)
  }

  /** Every pending block belongs to its chain, and every chain is listed once. */
  predicate WellPaired(t: Consolidation.Tools, s: TransitionState) {
    && |s.pendingProgress| == |s.preState.outputRoots|
    && (forall i | 0 <= i < |s.pendingProgress| ::
          t.owner(s.pendingProgress[i].blockHash) == s.preState.outputRoots[i].chainId)
    && (forall i, j | 0 <= i < j < |s.preState.outputRoots| ::
          s.preState.outputRoots[i].chainId != s.preState.outputRoots[j].chainId)
  }

  lemma PairsShape(s: TransitionState)
    requires |s.pendingProgress| == |s.preState.outputRoots|
    ensures |Pairs(s)| == |ChainsOf(s)| == |s.pendingProgress|
    ensures forall i | 0 <= i < |Pairs(s)| ::
              Pairs(s)[i].0.chainId == ChainsOf(s)[i] == s.preState.outputRoots[i].chainId
    ensures forall i | 0 <= i < |Pairs(s)| ::
              Pairs(s)[i].0 == s.preState.outputRoots[i] && Pairs(s)[i].1 == s.pendingProgress[i].blockHash
  {
  }

  lemma LoadedAt(w: World, ctx: Context, s: TransitionState, i: nat)
    requires WellPaired(w.tools(ctx.rollupConfigs), s) && i < |ChainsOf(s)|
    requires LoadHeaders(w, ctx, Pairs(s), map[]).Ok?
    ensures var heads, chain, hash := LoadHeaders(w, ctx, Pairs(s), map[]).value, ChainsOf(s)[i],
                                      s.pendingProgress[i].blockHash;
            && chain in heads && heads[chain].hash == hash
            && w.headerByHash(chain, hash) == Ok(heads[chain].inner)
            && (chain in w.registry || chain in ctx.rollupConfigs)
            && w.outputBlockHash(s.preState.outputRoots[i].root, chain).Ok?
  {
    var pairs := Pairs(s);
    PairsShape(s);
    hide Pairs, ChainsOf, LoadHeaders;
    LoadHeadersExact(w, ctx, pairs, map[]);
    assert LoadHeader(w, ctx, pairs[i]).Ok?;
  }

  lemma LoadedOnly(w: World, ctx: Context, s: TransitionState, c: u64)
    requires WellPaired(w.tools(ctx.rollupConfigs), s)
    requires LoadHeaders(w, ctx, Pairs(s), map[]).Ok? && c in LoadHeaders(w, ctx, Pairs(s), map[]).value
    ensures c in ChainsOf(s)
  {
    var pairs, chains := Pairs(s), ChainsOf(s);
    PairsShape(s);
    hide Pairs, ChainsOf, LoadHeaders, LoadHeader;
    LoadHeadersExact(w, ctx, pairs, map[]);
    var i :| 0 <= i < |pairs| && pairs[i].0.chainId == c;
    assert chains[i] == c;
  }

  lemma LoadedPaired(w: World, ctx: Context, s: TransitionState)
    requires WellPaired(w.tools(ctx.rollupConfigs), s)
    requires LoadHeaders(w, ctx, Pairs(s), map[]).Ok?
    ensures Consolidation.Paired(w.tools(ctx.rollupConfigs), ChainsOf(s),
                                 Consolidation.Work(s.pendingProgress, LoadHeaders(w, ctx, Pairs(s), map[]).value))
  {
    hide LoadHeaders;
    var heads := LoadHeaders(w, ctx, Pairs(s), map[]).value;
    forall i | 0 <= i < |ChainsOf(s)|
      ensures ChainsOf(s)[i] in heads && heads[ChainsOf(s)[i]].hash == s.pendingProgress[i].blockHash
    {
      LoadedAt(w, ctx, s, i);
    }
    forall c | c in heads
      ensures c in ChainsOf(s)
    {
      LoadedOnly(w, ctx, s, c);
    }
    hide Pairs;
  }

  /**
   * Consolidation is sound: when it succeeds, there are heads without any invalid message whose blocks are, chain by
   * chain, the pending blocks the next super root is built from. In every chain that was ever found invalid the pending
   * block carries the hash and the root of its new head; every other chain keeps its pending block.
   */
  lemma ResolveSound(w: World, ctx: Context, s: TransitionState, rootOf: Sealed -> Hash)
    returns (heads: Consolidation.Heads)
    requires Consolidation.Honest(w.tools(ctx.rollupConfigs)) && WellPaired(w.tools(ctx.rollupConfigs), s)
    requires Rooting(w.tools(ctx.rollupConfigs), rootOf) && Resolve(w, ctx, s).Ok?
    ensures var t, chains := w.tools(ctx.rollupConfigs), ChainsOf(s);
            && t.invalidChains(heads) == Ok([])
            && Consolidation.Paired(t, chains, Consolidation.Work(Resolve(w, ctx, s).value.pendingProgress, heads))
            && Replaces(rootOf, chains, Loaded(w, ctx, s),
                        Consolidation.Work(Resolve(w, ctx, s).value.pendingProgress, heads), ReplacedChains(w, ctx, s))
  {
    var t := w.tools(ctx.rollupConfigs);
    LoadedPaired(w, ctx, s);
    var work := Loaded(w, ctx, s);
    Consolidation.ConsolidateClean(t, work);
    Consolidation.ConsolidatePaired(t, ChainsOf(s), work);
    ConsolidateReplaces(t, rootOf, ChainsOf(s), work);
    hide Consolidation.Paired, Consolidation.Honest, Rooting, Replaces;
    heads := Consolidation.Consolidate(t, work).work.heads;
  }

  /** The pending blocks and the heads that consolidation starts from. */
  function Loaded(w: World, ctx: Context, s: TransitionState): Consolidation.Work
    requires LoadHeaders(w, ctx, Pairs(s), map[]).Ok?
  {
    Consolidation.Work(s.pendingProgress, LoadHeaders(w, ctx, Pairs(s), map[]).value)
  }

  /** The chains whose messages were found invalid in any round. */
  ghost function ReplacedChains(w: World, ctx: Context, s: TransitionState): set<u64>
    requires LoadHeaders(w, ctx, Pairs(s), map[]).Ok?
  {
    Replaced(w.tools(ctx.rollupConfigs), Loaded(w, ctx, s))
  }

  // ---------------------------------------------------------------------------------------------
  // Chains that have no block due

  /** The chain's safe head is `hash`, and its next block is not due within the second after `timestamp`. */
  ghost predicate NotDue(w: World, ctx: Context, agreed: OutputRoot, timestamp: nat, hash: Hash) {
    && w.outputBlockHash(agreed.root, agreed.chainId) == Ok(hash)
    && agreed.chainId in ctx.rollupConfigs
    && w.headerByHash(agreed.chainId, hash).Ok?
    && w.headerByHash(agreed.chainId, hash).value.timestamp + ctx.rollupConfigs[agreed.chainId].blockTime
       > timestamp + 1
  }

  /**
   * What keeps a chain from having a next block at all: no block under its agreed root, no configuration, no header, or
   * a driver that cannot be set up, in this order.
   */
  lemma NextBlockStuck(w: World, ctx: Context, agreed: OutputRoot, timestamp: nat)
    ensures var next, found := NextBlock(w, ctx, agreed, timestamp), w.outputBlockHash(agreed.root, agreed.chainId);
            && (found.Err? ==> next == Stuck(OracleProvider(found.error)))
            && (found.Ok? && agreed.chainId !in ctx.rollupConfigs ==> next == Stuck(StateTransitionFailed))
            && (found.Ok? && agreed.chainId in ctx.rollupConfigs ==>
                  var loaded := w.headerByHash(agreed.chainId, found.value);
                  var config := ctx.rollupConfigs[agreed.chainId];
                  && (loaded.Err? ==> next == Stuck(OracleProvider(loaded.error)))
                  && (loaded.Ok? && !NotDue(w, ctx, agreed, timestamp, found.value) ==>
                        var setup := w.setup(ctx.l1Head, agreed.chainId, config, Sealed(loaded.value, found.value));
                        setup.Err? ==> next == Stuck(OracleProvider(setup.error))))
  {
    hide DriverAnswer;
  }

  /** The turn of a chain that has no block due appends its safe head with its agreed output root. */
  lemma NotDueTurn(w: World, ctx: Context, p: PreState, agreed: OutputRoot, hash: Hash)
    requires TimestampOf(p) < ctx.claimedTimestamp && (p.Transition? ==> p.state.step < MAX_STEPS)
    requires ActiveOutputRoot(p) == Some(agreed) && NotDue(w, ctx, agreed, TimestampOf(p), hash)
    ensures NextBlock(w, ctx, agreed, TimestampOf(p)) == Block(OptimisticBlock(hash, agreed.root))
    ensures p.Super? ==>
              Turn(w, ctx, Decoded(p))
              == Some(Decoded(Transition(TransitionState(p.root, [OptimisticBlock(hash, agreed.root)], 1))))
    ensures p.Transition? && |p.state.pendingProgress| < |p.state.preState.outputRoots| ==>
              Turn(w, ctx, Decoded(p))
              == Some(Decoded(Transition(TransitionState(
                        p.state.preState, p.state.pendingProgress + [OptimisticBlock(hash, agreed.root)],
                        p.state.step + 1))))
  {
    assert NextBlock(w, ctx, agreed, TimestampOf(p)) == Block(OptimisticBlock(hash, agreed.root));
    hide NextBlock;
  }

  /** A chain that has no block due and is not replaced keeps its output root in the next super root. */
  lemma NotDueKeepsRoot(w: World, ctx: Context, root: SuperRoot, i: nat, hash: Hash, rootOf: Sealed -> Hash)
    requires root.timestamp < ctx.claimedTimestamp && Completes(w, ctx, root) && Ordered(root.outputRoots)
    requires i < |root.outputRoots| && NotDue(w, ctx, root.outputRoots[i], root.timestamp, hash)
    requires var t, s := w.tools(ctx.rollupConfigs), Progress(w, ctx, root, MAX_STEPS);
             && Consolidation.Honest(t) && Rooting(t, rootOf) && WellPaired(t, s)
             && root.outputRoots[i].chainId !in ReplacedChains(w, ctx, s)
    ensures var end := Play(w, ctx, Decoded(Super(root)), MAX_STEPS + 1);
            && end.Some? && end.value.Decoded? && end.value.state.Super?
            && i < |end.value.state.root.outputRoots|
            && end.value.state.root.outputRoots[i] == root.outputRoots[i]
  {
    var s := Progress(w, ctx, root, MAX_STEPS);
    assert s.pendingProgress[i] == OptimisticBlock(hash, root.outputRoots[i].root);
    PairsShape(s);
    var r := Resolve(w, ctx, s).value;
    var heads := ResolveSound(w, ctx, s, rootOf);
    ResolveKeepsShape(w, ctx, s);
    assert r.pendingProgress[i] == s.pendingProgress[i];
    hide Resolve, NextBlock, BlockOf, ReplacedChains, NewSuperRoot, Settled, Play, Replaces, Consolidation.Paired;
    CompletedChains(root, r);
    CompletesIff(w, ctx, root);
  }
}
