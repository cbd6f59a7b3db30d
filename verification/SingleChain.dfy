/** The single-chain fault-proof program: it checks a claimed output root at a claimed block number. */
module SingleChain {
  import opened Prelude
  import opened Forks
  import opened Blocks
  import Cursor
  import Driver
  import DriverProtocol
  import DriverTheorems
  import DriverExhaustion
  import opened ProofRun

  datatype Boot = Boot(l1Head: Hash, agreedRoot: Hash, claimedRoot: Hash, claimedNumber: u64)

  /** What the program reads besides its boot inputs; the claimed root is not handed to any of it. */
  datatype Source = Source(
    safeHeadHash: Hash -> Result<Hash, nat>,
    headerByHash: Hash -> Result<Header, nat>,
    setup: (Hash, Sealed) -> Result<Setup, nat>)

  datatype ProgramError =
    | InvalidClaim(left: Hash, right: Hash)
    | OracleProvider(code: nat)
    | DriverFailed(cause: Driver.DriverError)
    | Unfinished

  function SafeHead(src: Source, agreedRoot: Hash): Result<Sealed, nat> {
    match src.safeHeadHash(agreedRoot)
    case Err(e) => Err(e)
    case Ok(hash) =>
      match src.headerByHash(hash)
      case Err(e) => Err(e)
      case Ok(header) => Ok(Sealed(header, hash))
  }

  ghost function RunSingle(src: Source, boot: Boot): Result<(), ProgramError> {
    match SafeHead(src, boot.agreedRoot)
    case Err(e) => Err(OracleProvider(e))
    case Ok(head) =>
      if boot.claimedNumber < head.inner.number then Err(InvalidClaim(boot.agreedRoot, boot.claimedRoot))
      else if boot.agreedRoot == boot.claimedRoot then Ok(())
      else
        match src.setup(boot.l1Head, head)
        case Err(e) => Err(OracleProvider(e))
        case Ok(setup) =>
          match DriverAnswer(setup, head, boot.claimedNumber)
          case None => Err(Unfinished)
          case Some(Err(e)) => Err(DriverFailed(e))
          case Some(Ok((_, root))) =>
            if root != boot.claimedRoot then Err(InvalidClaim(root, boot.claimedRoot)) else Ok(())
  }

  /** The output root the driver arrives at; the claimed root is not among its inputs. */
  ghost function DerivedRoot(src: Source, l1Head: Hash, agreedRoot: Hash, number: u64): Option<Hash> {
    match SafeHead(src, agreedRoot)
    case Err(_) => None
    case Ok(head) =>
      match src.setup(l1Head, head)
      case Err(_) => None
      case Ok(setup) =>
        match DriverAnswer(setup, head, number)
        case Some(Ok((_, root))) => Some(root)
        case _ => None
  }

  /**
   * The program accepts exactly when the claimed number is not below the safe head and the claimed root is the agreed
   * root or the root the driver derives.
   */
  lemma SingleDecides(src: Source, boot: Boot)
    ensures RunSingle(src, boot).Ok?
       <==> (&& SafeHead(src, boot.agreedRoot).Ok?
             && SafeHead(src, boot.agreedRoot).value.inner.number <= boot.claimedNumber
             && (|| boot.claimedRoot == boot.agreedRoot
                 || DerivedRoot(src, boot.l1Head, boot.agreedRoot, boot.claimedNumber) == Some(boot.claimedRoot)))
  {
    hide DriverAnswer, SafeHead;
  }

  /** The safe head is the header stored under the hash that the agreed root gives, sealed with that hash. */
  lemma SafeHeadIff(src: Source, agreedRoot: Hash, head: Sealed)
    ensures SafeHead(src, agreedRoot) == Ok(head)
       <==> src.safeHeadHash(agreedRoot) == Ok(head.hash) && src.headerByHash(head.hash) == Ok(head.inner)
  {
    assert Sealed(head.inner, head.hash) == head;
  }

  /** A rejected claim is reported against the agreed root if it is too low, and against the derived root otherwise. */
  lemma RejectedAgainst(src: Source, boot: Boot, left: Hash, right: Hash)
    requires RunSingle(src, boot) == Err(InvalidClaim(left, right))
    ensures right == boot.claimedRoot && SafeHead(src, boot.agreedRoot).Ok?
    ensures if boot.claimedNumber < SafeHead(src, boot.agreedRoot).value.inner.number then left == boot.agreedRoot
            else DerivedRoot(src, boot.l1Head, boot.agreedRoot, boot.claimedNumber) == Some(left) && left != right
  {
    hide DriverAnswer, SafeHead;
  }

  /** Besides the agreed root itself at most one claimed root is accepted at a number. */
  lemma OneDerivedClaim(src: Source, a: Boot, b: Boot)
    requires a.(claimedRoot := b.claimedRoot) == b
    requires RunSingle(src, a).Ok? && RunSingle(src, b).Ok?
    requires a.claimedRoot != a.agreedRoot && b.claimedRoot != b.agreedRoot
    ensures a.claimedRoot == b.claimedRoot
  {
    hide RunSingle, DerivedRoot;
    SingleDecides(src, a);
    SingleDecides(src, b);
  }

  // ---------------------------------------------------------------------------------------------
  // What the accepted root is the root of

  /** The program gets as far as deriving: the safe head `head` is loaded and the driver `s` is set up on it. */
  ghost predicate Derives(src: Source, boot: Boot, s: Setup, head: Sealed) {
    && src.safeHeadHash(boot.agreedRoot) == Ok(head.hash)
    && src.headerByHash(head.hash) == Ok(head.inner)
    && head.inner.number <= boot.claimedNumber
    && src.setup(boot.l1Head, head) == Ok(s)
  }

  lemma DerivedDecides(src: Source, boot: Boot, s: Setup, head: Sealed)
    requires Derives(src, boot, s, head)
    ensures RunSingle(src, boot).Ok?
       <==> (|| boot.claimedRoot == boot.agreedRoot
             || (var answer := DriverAnswer(s, head, boot.claimedNumber);
                 answer.Some? && answer.value.Ok? && answer.value.value.1 == boot.claimedRoot))
  {
    SafeHeadIff(src, boot.agreedRoot, head);
    hide DriverAnswer, SafeHead;
  }

  /**
   * An accepted root that is not the agreed one was computed by the executor right after executing the last block
   * committed, or nothing was committed and it is the zero the cursor started with.
   */
  lemma AcceptedRoot(src: Source, boot: Boot, s: Setup, head: Sealed)
    requires Derives(src, boot, s, head) && DriverProtocol.OriginsAscend(s.env, ViewOf(s, head))
    requires RunSingle(src, boot).Ok? && boot.claimedRoot != boot.agreedRoot
    ensures var t := TraceOf(s, head, boot.claimedNumber);
            if DriverExhaustion.HasCommit(t) then
              RootOfLastCommit(s.env, t, t[DriverTheorems.LastCommit(t)].tip.l2SafeHead, boot.claimedRoot)
            else boot.claimedRoot == 0
  {
    DerivedDecides(src, boot, s, head);
    hide DriverAnswer, TraceOf, DriverExhaustion.HasCommit, RunSingle, Derives, DriverProtocol.OriginsAscend;
    AnswerRoot(s, head, boot.claimedNumber);
  }

  /** The accepted root is the executor's root of the claimed block itself. */
  ghost predicate RootOfClaimed(boot: Boot, s: Setup, head: Sealed) {
    var t := TraceOf(s, head, boot.claimedNumber);
    && DriverExhaustion.HasCommit(t)
    && var info := t[DriverTheorems.LastCommit(t)].tip.l2SafeHead;
       RootOfLastCommit(s.env, t, info, boot.claimedRoot) && info.blockInfo.number == boot.claimedNumber
  }

  /**
   * When an accepted root that is not the agreed one is the root of the claimed block: exactly when the claim is above
   * the safe head and the source does not fall short of it. Otherwise it is the root of the last block before the
   * source ended, or zero.
   */
  lemma ClaimedBlockIff(src: Source, boot: Boot, s: Setup, head: Sealed)
    requires Derives(src, boot, s, head) && WellSetUp(s, head)
    requires RunSingle(src, boot).Ok? && boot.claimedRoot != boot.agreedRoot
    ensures RootOfClaimed(boot, s, head)
       <==> head.inner.number < boot.claimedNumber && !FallsShort(s, head, boot.claimedNumber)
  {
    DerivedDecides(src, boot, s, head);
    hide DriverAnswer, TraceOf, RunSingle, Derives, FallsShort;
    hide DriverExhaustion.HasCommit, DriverProtocol.OriginsAscend;
    AnswerRoot(s, head, boot.claimedNumber);
    TargetRootIff(s, head, boot.claimedNumber);
  }

  /**
   * When a root that no execution produced is accepted: exactly the zero root, and exactly when the claim is at the
   * safe head's own number, or above it while the source runs dry on the safe head and interop is not active at its
   * number.
   */
  lemma UnexecutedRootIff(src: Source, boot: Boot, s: Setup, head: Sealed)
    requires Derives(src, boot, s, head) && WellSetUp(s, head) && boot.claimedRoot != boot.agreedRoot
    ensures RunSingle(src, boot).Ok? && !DriverExhaustion.HasCommit(TraceOf(s, head, boot.claimedNumber))
       <==> (&& boot.claimedRoot == 0
             && (|| boot.claimedNumber == head.inner.number
                 || (RunsDry(s, head) && !InteropActive(s.env.forks, head.inner.number))))
  {
    DerivedDecides(src, boot, s, head);
    hide DriverAnswer, TraceOf, DriverExhaustion.HasCommit, RunsDry, RunSingle, DriverProtocol.OriginsAscend;
    UnexecutedIff(s, head, boot.claimedNumber);
    var answer := DriverAnswer(s, head, boot.claimedNumber);
    if answer.Some? && answer.value.Ok? {
      AnswerRoot(s, head, boot.claimedNumber);
    }
  }

  /** At the safe head's own number the accepted roots are the agreed one and zero, whatever the components do. */
  lemma AcceptedAtSafeHead(src: Source, boot: Boot, s: Setup, head: Sealed)
    requires Derives(src, boot, s, head)
    requires boot.claimedNumber == head.inner.number == s.info.blockInfo.number
    ensures RunSingle(src, boot).Ok? <==> boot.claimedRoot == boot.agreedRoot || boot.claimedRoot == 0
  {
    DerivedDecides(src, boot, s, head);
    AnswerAtSafeHead(s, head, boot.claimedNumber);
    hide DriverAnswer, RunSingle;
  }

  /** So they are above it when the source runs dry, unless interop is active at the number of the safe head. */
  lemma AcceptedFromDrySource(src: Source, boot: Boot, s: Setup, head: Sealed)
    requires Derives(src, boot, s, head)
    requires head.inner.number == s.info.blockInfo.number < boot.claimedNumber && RunsDry(s, head)
    ensures RunSingle(src, boot).Ok?
       <==> (|| boot.claimedRoot == boot.agreedRoot
             || (boot.claimedRoot == 0 && !InteropActive(s.env.forks, head.inner.number)))
  {
    DerivedDecides(src, boot, s, head);
    hide DriverAnswer, RunSingle, RunsDry;
    DryAnswer(s, head, boot.claimedNumber);
  }

  // ---------------------------------------------------------------------------------------------
  // A claim accepted with the root of a lower block

  const NO_FORKS := HardForks(None, None, None, None, None, None, None, None, None)

  /** The block after `head`, sealed with the hash that the environment below gives to every header. */
  function ChildOf(head: Sealed): Sealed
    requires head.inner.number < U64_MAX
  {
    Sealed(Header(head.hash, head.inner.number + 1, head.inner.timestamp, 0), 7)
  }

  /** The executor builds the block after the head it was set to. */
  function BuildNext(t: Driver.Trace): Result<Driver.Outcome, nat> {
    if t != [] && Last(t).SafeHeadUpdated? && Last(t).header.inner.number < U64_MAX then
      Ok(Driver.Outcome(ChildOf(Last(t).header), 0))
    else Err(0)
  }

  /** One payload, which executes to the block after `head` with the given root, and then the end of the source. */
  function OneBlockEnv(head: Sealed, root: Hash): Driver.Env {
    var payload := Driver.Attributes(head.inner.timestamp, Some([[Driver.DEPOSIT_TX_TYPE]]), 0);
    Driver.Env(
      NO_FORKS, BlockId(0, 0), BlockId(0, 0),
      (t, _) => if t == [] then Ok(payload) else Err(Driver.Critical(Driver.EndOfSource)),
      _ => Ok(()),
      _ => Some(BlockInfo(0, 0, 0, 0)),
      (t, _) => BuildNext(t),
      _ => Ok(root),
      _ => Ok(Driver.Tx(Driver.DEPOSIT_TX_TYPE, [], 0)),
      _ => Ok((BlockId(0, 0), 0)),
      _ => 7)
  }

  function OneBlockSetup(head: Sealed, root: Hash): Setup {
    var info := BlockInfo(head.hash, head.inner.number, head.inner.parentHash, head.inner.timestamp);
    Setup(OneBlockEnv(head, root), 0, BlockInfo(0, 0, 0, 0), L2BlockInfo(info, BlockId(0, 0), 0))
  }

  /** The safe head is `head`, and its chain has one more block on L1. */
  function OneBlockSource(head: Sealed, root: Hash): Source {
    Source(_ => Ok(head.hash), _ => Ok(head.inner), (_, _) => Ok(OneBlockSetup(head, root)))
  }

  /** The run towards any number beyond the next answers with the next block and its root. */
  lemma OneBlockAnswer(head: Sealed, root: Hash, target: u64)
    requires head.inner.number + 1 < target
    ensures var answer := DriverAnswer(OneBlockSetup(head, root), head, target);
            && answer.Some? && answer.value.Ok?
            && answer.value.value.0.blockInfo.number == head.inner.number + 1
            && answer.value.value.1 == root
  {
    var s := OneBlockSetup(head, root);
    var start := StartOf(s, head, target);
    Cursor.StartShowsTip(s.channelTimeout, s.origin, FirstTip(s, head));
    var first := OneBlockPass(head, root, target);
    DriverExhaustion.EndingPasses(s.env, first, 2);
    Driver.RunUnrolls(s.env, start, 3);
    hide Driver.Run, Driver.Step, Cursor.Start;
    RunOfIs(s, head, target, 3);
  }

  lemma OneBlockPass(head: Sealed, root: Hash, target: u64) returns (next: Driver.State)
    requires head.inner.number + 1 < target
    ensures var s := OneBlockSetup(head, root);
            var start := StartOf(s, head, target);
            && Cursor.Ready(start.cursor)
            && Driver.Step(s.env, start) == Driver.Next(next)
            && Cursor.Ready(next.cursor) && next.target == Some(target) && next.trace != []
            && Cursor.Tip(next.cursor).l2SafeHead.blockInfo.number == head.inner.number + 1
            && Cursor.Tip(next.cursor).outputRoot == root
  {
    var s := OneBlockSetup(head, root);
    var start := StartOf(s, head, target);
    var tip := FirstTip(s, head);
    Cursor.StartShowsTip(s.channelTimeout, s.origin, tip);
    var payload := Driver.Attributes(head.inner.timestamp, Some([[Driver.DEPOSIT_TX_TYPE]]), 0);
    assert s.env.produce([], s.info) == Ok(payload);
    var x := Driver.Execute(s.env, [] + [Driver.Produced(s.info, Ok(payload))], head, payload);
    assert x.Built? && x.attributes == payload && x.outcome == Driver.Outcome(ChildOf(head), 0);
    var txs := Driver.Transactions(payload);
    assert txs == [[Driver.DEPOSIT_TX_TYPE]] && txs[1..] == [];
    var decoded := [Driver.Tx(Driver.DEPOSIT_TX_TYPE, [], 0)];
    assert Driver.DecodeAll(s.env, txs) == Ok(decoded + []);
    assert decoded + [] == decoded;
    var c := Driver.Commit(s.env, start, x.trace, payload, x.outcome);
    assert c.Next?;
    next := c.state;
    Cursor.AdvanceAscending(start.cursor, BlockInfo(0, 0, 0, 0), Last(next.trace).tip);
    hide Cursor.Start, Cursor.Advance;
  }

  lemma {:induction false} OriginStays(head: Sealed, root: Hash, v: DriverProtocol.View, t: Driver.Trace)
    requires v.top == 0 && DriverProtocol.Conforms(OneBlockEnv(head, root), v, t)
    ensures DriverProtocol.Replay(v, t).top == 0
    decreases |t|
  {
    var env := OneBlockEnv(head, root);
    if t != [] {
      var before := DropLast(t);
      OriginStays(head, root, v, before);
      if Last(t).Committed? {
        DriverProtocol.ConformsAt(env, v, before, |before| - 2);
        assert before[|before| - 2] == DriverProtocol.Back(before, 2);
      }
    }
  }

  /** These components do all that the theorems ask of them. */
  lemma OneBlockWellSetUp(head: Sealed, root: Hash)
    ensures WellSetUp(OneBlockSetup(head, root), head)
  {
    var s := OneBlockSetup(head, root);
    forall t: Driver.Trace | DriverProtocol.Conforms(s.env, ViewOf(s, head), t)
      ensures DriverProtocol.Replay(ViewOf(s, head), t).top == 0
    {
      OriginStays(head, root, ViewOf(s, head), t);
    }
    hide DriverProtocol.Conforms, DriverProtocol.Replay;
  }

  /**
   * A claim at any number beyond the next block is accepted with the root of the next block, when that is the last one
   * on L1 and all components do their part.
   */
  lemma LowerRootAccepted(head: Sealed, agreed: Hash, root: Hash, number: u64)
    requires head.inner.number + 1 < number
    ensures var src, boot, s := OneBlockSource(head, root), Boot(0, agreed, root, number), OneBlockSetup(head, root);
            && Derives(src, boot, s, head) && WellSetUp(s, head)
            && RunSingle(src, boot).Ok? && !RootOfClaimed(boot, s, head)
  {
    var src, boot, s := OneBlockSource(head, root), Boot(0, agreed, root, number), OneBlockSetup(head, root);
    assert Sealed(head.inner, head.hash) == head;
    assert Derives(src, boot, s, head);
    OneBlockWellSetUp(head, root);
    OneBlockAnswer(head, root, number);
    hide OneBlockSetup, OneBlockSource, RunSingle, Derives, DriverAnswer, TraceOf, DriverExhaustion.HasCommit;
    DerivedDecides(src, boot, s, head);
    AnswerRoot(s, head, number);
  }
}
